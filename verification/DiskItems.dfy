/** When a stored list comes back as printed, in terms of its items: what may stand around a comma in one. */
module DiskItems {
  import opened Text
  import opened DiskLines

  // ----- lists that are read at `, `

  predicate Cut(s: string, i: int) {
    0 <= i < |s| - 1 && s[i] == ',' && s[i + 1] == ' '
  }

  /** Around each comma with a blank there is no further blank, apart from the one of the cut before. */
  predicate CutsClean(s: string) {
    forall i :: 0 <= i < |s| && Cut(s, i) ==>
      (i + 2 < |s| ==> !IsSpace(s[i + 2])) && (i == 0 || !IsSpace(s[i - 1]) || Cut(s, i - 2))
  }

  predicate BeginsClean(s: string) {
    s == "" || !IsSpace(s[0])
  }

  predicate EndsClean(s: string) {
    s == "" || !IsSpace(s[|s| - 1]) || Cut(s, |s| - 2)
  }

  lemma CutPlaces(a: string, r: string, k: int)
    ensures Cut(a + ", " + r, k) <==> Cut(a, k) || k == |a| || Cut(r, k - |a| - 2)
  {
    var s := a + ", " + r;
    if 0 <= k < |s| - 1 {
      assert s[k] == if k < |a| then a[k] else if k == |a| then ',' else if k == |a| + 1 then ' ' else r[k - |a| - 2];
      assert s[k + 1] == if k + 1 < |a| then a[k + 1] else if k + 1 == |a| then ',' else if k == |a| then ' '
          else r[k - |a| - 1];
    }
  }

  /** The cuts on both sides of one are clean on their own. */
  lemma CutsConcat(a: string, r: string)
    ensures CutsClean(a + ", " + r) <==> CutsClean(a) && CutsClean(r) && BeginsClean(r) && EndsClean(a)
  {
    var s := a + ", " + r;
    if CutsClean(s) {
      CutsOfParts(a, r);
    }
    if CutsClean(a) && CutsClean(r) && BeginsClean(r) && EndsClean(a) {
      CutsOfWhole(a, r);
    }
  }

  lemma CutsOfParts(a: string, r: string)
    requires CutsClean(a + ", " + r)
    ensures CutsClean(a) && CutsClean(r) && BeginsClean(r) && EndsClean(a)
  {
    var s := a + ", " + r;
    assert Cut(s, |a|) by { CutPlaces(a, r, |a|); }
    CutPlaces(a, r, |a| - 2);
    forall i | Cut(a, i)
      ensures (i + 2 < |a| ==> !IsSpace(a[i + 2])) && (i == 0 || !IsSpace(a[i - 1]) || Cut(a, i - 2))
    {
      CutPlaces(a, r, i);
      CutPlaces(a, r, i - 2);
      assert Cut(s, i);
    }
    forall i | Cut(r, i)
      ensures (i + 2 < |r| ==> !IsSpace(r[i + 2])) && (i == 0 || !IsSpace(r[i - 1]) || Cut(r, i - 2))
    {
      var k := i + |a| + 2;
      CutPlaces(a, r, k);
      CutPlaces(a, r, k - 2);
      assert Cut(s, k);
    }
  }

  lemma CutsOfWhole(a: string, r: string)
    requires CutsClean(a) && CutsClean(r) && BeginsClean(r) && EndsClean(a)
    ensures CutsClean(a + ", " + r)
  {
    var s := a + ", " + r;
    forall k | Cut(s, k)
      ensures (k + 2 < |s| ==> !IsSpace(s[k + 2])) && (k == 0 || !IsSpace(s[k - 1]) || Cut(s, k - 2))
    {
      CutPlaces(a, r, k);
      CutPlaces(a, r, k - 2);
      if Cut(a, k) {
      } else if k == |a| {
      } else {
        assert Cut(r, k - |a| - 2);
      }
    }
  }

  lemma CutsAreSeparators(s: string, i: int)
    ensures Cut(s, i) <==> At(s, ", ", i)
  {
    if 0 <= i < |s| - 1 {
      assert s[i..i + 2] == [s[i], s[i + 1]];
    }
  }

  predicate Uncut(s: string) {
    forall i :: 0 <= i < |s| ==> !Cut(s, i)
  }

  lemma NoCuts(s: string)
    requires Index(s, ", ") < 0
    ensures Uncut(s)
  {
    hide Index;
    forall i | 0 <= i < |s|
      ensures !Cut(s, i)
    {
      CutsAreSeparators(s, i);
    }
  }

  lemma FirstCut(s: string)
    requires Index(s, ", ") >= 0
    ensures var i := Index(s, ", "); i + 2 <= |s| && s == s[..i] + ", " + s[i + 2..] && Uncut(s[..i])
  {
    hide Index;
    var i := Index(s, ", ");
    assert s[i..i + 2] == ", ";
    forall k | 0 <= k < i
      ensures !Cut(s[..i], k)
    {
      CutsAreSeparators(s, k);
      assert Cut(s[..i], k) ==> Cut(s, k);
    }
  }

  lemma UncutTrimmed(s: string)
    requires Uncut(s)
    ensures CutsClean(s)
    ensures Trimmed(s) <==> BeginsClean(s) && EndsClean(s)
  {
  }

  predicate AllTrimmed(parts: seq<string>) {
    forall i :: 0 <= i < |parts| ==> Trimmed(parts[i])
  }

  lemma TrimmedHead(head: string, rest: seq<string>)
    ensures AllTrimmed([head] + rest) <==> Trimmed(head) && AllTrimmed(rest)
  {
    var all := [head] + rest;
    assert forall i :: 0 <= i < |rest| ==> all[i + 1] == rest[i];
    assert all[0] == head;
  }

  lemma EndsConcat(a: string, r: string)
    ensures EndsClean(a + ", " + r) <==> EndsClean(r)
    ensures BeginsClean(a + ", " + r) <==> BeginsClean(a)
  {
    var s := a + ", " + r;
    CutPlaces(a, r, |s| - 2);
    assert s[|s| - 1] == if r == "" then ' ' else r[|r| - 1];
    assert s[0] == if a == "" then ',' else a[0];
  }

  /** The pieces have no blank ends exactly when the text is clean at its ends and at its cuts. */
  lemma {:induction false} PiecesTrimmed(s: string)
    ensures AllTrimmed(Split(s, ", ")) <==> BeginsClean(s) && EndsClean(s) && CutsClean(s)
    decreases |s|
  {
    var i := Index(s, ", ");
    if i < 0 {
      NoCuts(s);
      UncutTrimmed(s);
      assert Split(s, ", ") == [s] && [s] + [] == [s];
      TrimmedHead(s, []);
    } else {
      FirstCut(s);
      var a, r := s[..i], s[i + 2..];
      UncutTrimmed(a);
      PiecesTrimmed(r);
      TrimmedHead(a, Split(r, ", "));
      CutsConcat(a, r);
      EndsConcat(a, r);
    }
  }

  predicate AllCutsClean(items: seq<string>) {
    forall i :: 0 <= i < |items| ==> CutsClean(items[i])
  }

  /** Joining items without blank ends brings no new uncleanness. */
  lemma {:induction false} JoinedCuts(items: seq<string>)
    requires AllTrimmed(items)
    ensures BeginsClean(Join(items, ", ")) && EndsClean(Join(items, ", "))
    ensures CutsClean(Join(items, ", ")) <==> AllCutsClean(items)
  {
    if |items| > 1 {
      assert AllTrimmed(items[1..]) && Trimmed(items[0]);
      JoinedCuts(items[1..]);
      var a, r := items[0], Join(items[1..], ", ");
      CutsConcat(a, r);
      EndsConcat(a, r);
      AllCutsOf(items);
    }
  }

  lemma AllCutsOf(items: seq<string>)
    requires items != []
    ensures AllCutsClean(items) <==> CutsClean(items[0]) && AllCutsClean(items[1..])
  {
    assert forall i :: 1 <= i < |items| ==> items[i] == items[1..][i - 1];
  }

  /** Printed and read at `, `, a list is printed again as the same bytes exactly when, in the line-safe form of
    each item, no further blank stands around a comma that has a blank after it. */
  lemma ListKeptByItems(items: seq<string>)
    ensures Join(MapLineSafe(ReadList(ListText(items), ", ")), ", ") == ListText(items) <==>
            AllCutsClean(MapLineSafe(items))
  {
    var safe := MapLineSafe(items);
    var printed := ListText(items);
    ListEnd(items);
    ListReprinted(printed, ", ");
    JoinedCuts(safe);
    hide CutsClean;
    if printed != "" {
      PiecesTrimmed(printed);
    } else {
      assert CutsClean("") by { EmptyClean(); }
    }
  }

  /** In each item, no further blank stands around a comma that has a blank after it. */
  predicate ListKept(items: seq<string>) {
    AllCutsClean(MapLineSafe(items))
  }

  lemma ListLineAgain(name: string, items: seq<string>)
    ensures name + ListText(ReadList(ListText(items), ", ")) == name + ListText(items) <==> ListKept(items)
  {
    ListKeptByItems(items);
    SameAfter(name, ListText(ReadList(ListText(items), ", ")), ListText(items));
  }

  lemma EmptyClean()
    ensures CutsClean("") && CommasCut("") && CommaBlank("")
  {
  }

  // ----- the version list, which is printed with `, ` and read at `,`

  /** Each comma has a blank after it. */
  predicate CommasCut(s: string) {
    forall i :: 0 <= i < |s| && s[i] == ',' ==> Cut(s, i)
  }

  lemma CommasConcat(a: string, r: string)
    ensures CommasCut(a + ", " + r) <==> CommasCut(a) && CommasCut(r)
  {
    var s := a + ", " + r;
    if CommasCut(s) {
      forall i | 0 <= i < |a| && a[i] == ','
        ensures Cut(a, i)
      {
        CutPlaces(a, r, i);
        assert s[i] == ',';
      }
      forall i | 0 <= i < |r| && r[i] == ','
        ensures Cut(r, i)
      {
        CutPlaces(a, r, |a| + 2 + i);
        assert s[|a| + 2 + i] == ',';
      }
    }
    if CommasCut(a) && CommasCut(r) {
      forall k | 0 <= k < |s| && s[k] == ','
        ensures Cut(s, k)
      {
        CutPlaces(a, r, k);
        assert s[k] == if k < |a| then a[k] else if k == |a| then ',' else if k == |a| + 1 then ' ' else r[k - |a| - 2];
      }
    }
  }

  predicate AllCommasCut(items: seq<string>) {
    forall i :: 0 <= i < |items| ==> CommasCut(items[i])
  }

  lemma {:induction false} JoinedCommas(items: seq<string>)
    ensures CommasCut(Join(items, ", ")) <==> AllCommasCut(items)
  {
    if |items| > 1 {
      JoinedCommas(items[1..]);
      CommasConcat(items[0], Join(items[1..], ", "));
      assert AllCommasCut(items) <==> CommasCut(items[0]) && AllCommasCut(items[1..]) by {
        assert forall i :: 1 <= i < |items| ==> items[i] == items[1..][i - 1];
      }
    }
  }

  /** Pieces without commas, all but the first beginning with a blank. */
  lemma {:induction false} BlankPieces(pieces: seq<string>)
    requires forall i :: 0 <= i < |pieces| ==> ',' !in pieces[i]
    requires forall i :: 1 <= i < |pieces| ==> pieces[i] != "" && pieces[i][0] == ' '
    ensures CommasCut(Join(pieces, ","))
  {
    if |pieces| > 1 {
      var first, rest := pieces[0], Join(pieces[1..], ",");
      assert rest != "" && rest[0] == ' ' by {
        assert pieces[1] != "" && pieces[1][0] == ' ';
      }
      BlankPieces(pieces[1..]);
      var s := first + "," + rest;
      forall k | 0 <= k < |s| && s[k] == ','
        ensures Cut(s, k)
      {
        assert forall i :: 0 <= i < |first| ==> first[i] != ',';
        if k > |first| {
          assert Cut(rest, k - |first| - 1);
        }
      }
    }
  }

  lemma BlankFirst(r: string)
    ensures Split(" " + r, ",") == [" " + Split(r, ",")[0]] + Split(r, ",")[1..]
  {
    var s, i := " " + r, Index(r, ",");
    assert s[1..] == r;
    assert s[..1] == " ";
    assert Index(s, ",") == if i < 0 then -1 else i + 1;
    if i >= 0 {
      assert s[..i + 1] == " " + r[..i] && s[i + 2..] == r[i + 1..];
    }
  }

  lemma SameFirst(s: string)
    requires CommasCut(s)
    ensures Index(s, ",") == Index(s, ", ")
  {
    hide Index;
    var i, j := Index(s, ","), Index(s, ", ");
    if i >= 0 {
      assert s[i..i + 1] == "," && s[i] == ',';
      CutsAreSeparators(s, i);
    }
    if j >= 0 {
      assert s[j] == s[j..j + 2][0] == ',' && s[j..j + 1] == [s[j]];
      assert At(s, ",", j);
    }
  }

  /** When each comma has a blank, reading at the comma alone only leaves the blanks in front. */
  lemma {:induction false} SplitIndented(s: string)
    requires CommasCut(s)
    ensures Split(s, ",") == Indent(Split(s, ", "))
    decreases |s|
  {
    SameFirst(s);
    var i := Index(s, ",");
    if i >= 0 {
      assert s[i..i + 2] == ", " && s[i..i + 1] == ",";
      var a, r := s[..i], s[i + 2..];
      assert s == a + ", " + r && s[i + 1..] == " " + r;
      CommasConcat(a, r);
      SplitIndented(r);
      BlankFirst(r);
      var parts := Split(r, ", ");
      assert Split(s, ",") == [a] + ([" " + Indent(parts)[0]] + Indent(parts)[1..]);
      assert Split(s, ", ") == [a] + parts;
      IndentMore(a, parts);
    } else {
      assert Split(s, ",") == [s] && Split(s, ", ") == [s];
    }
  }

  lemma IndentMore(a: string, parts: seq<string>)
    requires parts != []
    ensures Indent([a] + parts) == [a] + ([" " + Indent(parts)[0]] + Indent(parts)[1..])
  {
  }

  lemma CommaBlankIs(printed: string)
    requires printed != ""
    ensures CommaBlank(printed) <==> CommasCut(printed) && AllTrimmed(Split(printed, ", "))
  {
    hide Split;
    if CommaBlank(printed) {
      SplitPiecesLack(printed, ',');
      JoinOfSplit(printed, ",");
      assert forall i :: 1 <= i < |Split(printed, ",")| ==> PieceKept(Split(printed, ",")[i], i);
      BlankPieces(Split(printed, ","));
    }
    if CommasCut(printed) {
      SplitIndented(printed);
      var parts := Split(printed, ", ");
      assert forall i :: 0 <= i < |parts| ==> (PieceKept(Indent(parts)[i], i) <==> Trimmed(parts[i])) by {
        assert forall i :: 1 <= i < |parts| ==> (" " + parts[i])[1..] == parts[i];
      }
    }
  }

  /** Printed with `, ` and read at `,`, a list is printed again as the same bytes exactly when, in the line-safe
    form of each item, each comma has a blank after it and no further blank stands around the two. */
  lemma VersionKeptByItems(items: seq<string>)
    ensures Join(MapLineSafe(ReadList(ListText(items), ",")), ", ") == ListText(items) <==>
            AllCommasCut(MapLineSafe(items)) && AllCutsClean(MapLineSafe(items))
  {
    var safe, printed := MapLineSafe(items), ListText(items);
    ListEnd(items);
    VersionReprinted(printed);
    JoinedCuts(safe);
    JoinedCommas(safe);
    hide CutsClean;
    hide CommasCut;
    hide CommaBlank;
    if printed != "" {
      CommaBlankIs(printed);
      PiecesTrimmed(printed);
    } else {
      assert CutsClean("") && CommasCut("") && CommaBlank("") by { EmptyClean(); }
    }
  }
}
